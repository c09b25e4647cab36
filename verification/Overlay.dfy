/** Transactions: a second store of tagged changes shadows the first until they are carried over (tdx_*). */
module Overlay {
  import opened Bytes
  import opened Blocks
  import opened Tilings
  import opened Store
  import opened FreeLists
  import opened Fitness
  import opened Allocator
  import opened Rebalance
  import opened Values
  import opened Trees
  import opened Paths
  import opened Records
  import opened Contents
  import opened Database
  import opened Deletes
  import opened Operations
  import opened Maps
  import opened Cursors
  import Accounts
  import Runs
  import Puts
  import Vectors

  const TDX_PUT: Byte := 1
  const TDX_DEL: Byte := 2

  // ------------------------------------------------------------ what the changes mean

  function TagOf(bs: seq<Byte>): Byte
    requires bs != []
  {
    bs[|bs| - 1]
  }

  function Untagged(bs: seq<Byte>): seq<Byte>
    requires bs != []
  {
    bs[..|bs| - 1]
  }

  ghost predicate IsPut(c: Dict, key: seq<Byte>) {
    key in c && c[key] != [] && TagOf(c[key]) == TDX_PUT
  }

  ghost predicate IsDel(c: Dict, key: seq<Byte>) {
    key in c && c[key] != [] && TagOf(c[key]) == TDX_DEL
  }

  /** Every change is a put or a deletion. */
  ghost predicate WellTagged(c: Dict) {
    forall key | key in c :: IsPut(c, key) || IsDel(c, key)
  }

  /** The original with the changes laid over it. */
  ghost function View(c: Dict, o: Dict): Dict {
    map key | key in c.Keys + o.Keys && !IsDel(c, key) && (IsPut(c, key) || key in o) ::
      if IsPut(c, key) then Untagged(c[key]) else o[key]
  }

  /** A put into the changes is a put as far as the overlay shows, and it keeps the changes well tagged. */
  lemma ViewPut(c: Dict, o: Dict, key: seq<Byte>, value: seq<Byte>)
    ensures View(c[key := value + [TDX_PUT]], o) == View(c, o)[key := value]
    ensures WellTagged(c) ==> WellTagged(c[key := value + [TDX_PUT]])
  {
    var c' := c[key := value + [TDX_PUT]];
    assert Untagged(c'[key]) == value && IsPut(c', key);
    forall k | k != key ensures IsPut(c', k) == IsPut(c, k) && IsDel(c', k) == IsDel(c, k) {}
    assert View(c', o).Keys == View(c, o)[key := value].Keys;
  }

  /** A tombstone in the changes is a deletion as far as the overlay shows. */
  lemma ViewDel(c: Dict, o: Dict, key: seq<Byte>, value: seq<Byte>)
    ensures View(c[key := value + [TDX_DEL]], o) == View(c, o) - {key}
    ensures WellTagged(c) ==> WellTagged(c[key := value + [TDX_DEL]])
  {
    var c' := c[key := value + [TDX_DEL]];
    assert IsDel(c', key);
    forall k | k != key ensures IsPut(c', k) == IsPut(c, k) && IsDel(c', k) == IsDel(c, k) {}
    assert View(c', o).Keys == (View(c, o) - {key}).Keys;
  }

  // ------------------------------------------------------------ carrying changes over, one by one

  /** One change carried over. */
  ghost function Applied(d: Dict, e: Entry): Dict {
    if e.value == [] then d
    else if TagOf(e.value) == TDX_PUT then d[e.key := Untagged(e.value)]
    else if TagOf(e.value) == TDX_DEL then d - {e.key}
    else d
  }

  /** The first n changes carried over in order. */
  ghost function Replayed(o: Dict, es: Contents.Entries, n: nat): Dict
    requires n <= |es|
  {
    if n == 0 then o else Applied(Replayed(o, es, n - 1), es[n - 1])
  }

  ghost predicate SameAt(d: Dict, d': Dict, key: seq<Byte>) {
    (key in d <==> key in d') && (key in d ==> d[key] == d'[key])
  }

  lemma AppliedElsewhere(d: Dict, e: Entry, key: seq<Byte>)
    requires key != e.key
    ensures SameAt(Applied(d, e), d, key)
  {
  }

  /** Keys none of the first n changes are about stay as they were. */
  lemma {:induction false} ReplayedElsewhere(o: Dict, es: Contents.Entries, n: nat, key: seq<Byte>)
    requires n <= |es| && forall j | 0 <= j < n :: es[j].key != key
    ensures SameAt(Replayed(o, es, n), o, key)
  {
    if n > 0 {
      ReplayedElsewhere(o, es, n - 1, key);
      AppliedElsewhere(Replayed(o, es, n - 1), es[n - 1], key);
    }
  }

  lemma ReplayedStep(o: Dict, es: Contents.Entries, n: nat)
    requires 0 < n <= |es|
    ensures Replayed(o, es, n) == Applied(Replayed(o, es, n - 1), es[n - 1])
  {
  }

  lemma AppliedSame(d: Dict, d': Dict, e: Entry)
    requires SameAt(d, d', e.key)
    ensures SameAt(Applied(d, e), Applied(d', e), e.key)
  {
  }

  lemma OneKeyEach(es: Contents.Entries, i: nat, j: nat)
    requires Strict(es) && i < |es| && j < |es| && i != j
    ensures es[i].key != es[j].key
  {
    StrictRank(es, i);
    StrictRank(es, j);
  }

  /** A change shows in the end as it did when it was carried over, for no other is about its key. */
  lemma {:induction false} ReplayedOnce(o: Dict, es: Contents.Entries, j: nat, n: nat)
    requires Strict(es) && j < n <= |es|
    ensures SameAt(Replayed(o, es, n), Applied(o, es[j]), es[j].key)
    decreases n
  {
    hide Replayed, Applied, Strict;
    ReplayedStep(o, es, n);
    if n == j + 1 {
      forall i | 0 <= i < j ensures es[i].key != es[j].key {
        OneKeyEach(es, i, j);
      }
      ReplayedElsewhere(o, es, j, es[j].key);
      AppliedSame(Replayed(o, es, j), o, es[j]);
    } else {
      OneKeyEach(es, j, n - 1);
      ReplayedOnce(o, es, j, n - 1);
      AppliedElsewhere(Replayed(o, es, n - 1), es[n - 1], es[j].key);
    }
  }

  /** One entry's effect on its key is what the overlay shows there. */
  lemma ViewAtEntry(c: Dict, o: Dict, e: Entry)
    requires e.key in c && c[e.key] == e.value
    ensures SameAt(Applied(o, e), View(c, o), e.key)
  {
  }

  /** Carrying over all changes makes the original what the overlay showed. */
  lemma ReplayedAll(o: Dict, es: Contents.Entries)
    requires Strict(es)
    ensures Replayed(o, es, |es|) == View(MapOf(es), o)
  {
    hide Replayed, View, Applied, MapOf, Strict;
    var d, v := Replayed(o, es, |es|), View(MapOf(es), o);
    forall key ensures SameAt(d, v, key) {
      if key in KeysOf(es) {
        var j := KeyIndex(es, key);
        StrictRank(es, j);
        ReplayedOnce(o, es, j, |es|);
        ViewAtEntry(MapOf(es), o, es[j]);
      } else {
        NotThere(es, key);
        ReplayedElsewhere(o, es, |es|, key);
        ViewElsewhere(MapOf(es), o, key);
      }
    }
    SameEverywhere(d, v);
  }

  lemma NotThere(es: Contents.Entries, key: seq<Byte>)
    requires key !in KeysOf(es)
    ensures forall j | 0 <= j < |es| :: es[j].key != key
  {
  }

  lemma ViewElsewhere(c: Dict, o: Dict, key: seq<Byte>)
    requires key !in c
    ensures SameAt(o, View(c, o), key)
  {
  }

  lemma SameEverywhere(d: Dict, d': Dict)
    requires forall key :: SameAt(d, d', key)
    ensures d == d'
  {
    assert forall key :: key in d <==> key in d' by {
      forall key ensures key in d <==> key in d' {
        assert SameAt(d, d', key);
      }
    }
    forall key | key in d ensures d[key] == d'[key] {
      assert SameAt(d, d', key);
    }
  }

  // ------------------------------------------------------------ the transaction

  /** A store a transaction can work on: one entry per key, looked up whole. */
  ghost predicate Usable(td: Td)
    reads td
  {
    Valid(td) && Strict(ContentsOf(td)) && Runs.Plain(td.header.flags)
  }

  ghost function DictOf(td: Td): Dict
    reads td
  {
    MapOf(ContentsOf(td))
  }

  lemma NoChanges(o: Dict)
    ensures WellTagged(map[]) && View(map[], o) == o
  {
  }

  method OpenChanges(callback: (nat, nat) -> Word, allocates: bool) returns (store: Td)
    ensures fresh(store) && Usable(store) && DictOf(store) == map[] && store.allocates == allocates
    ensures store.extendable && store.callback == callback && Room(store) == 1024 - HEADER_SIZE
  {
    hide Consistent, IsSound, Records.Entries, MapOf, Strict, SizesOf, Largest;
    store := new Td(seq(1024, i => 0), true, callback, allocates);
    var r := InitCreate(store, NO_FLAGS);
    Runs.NoEntriesNoMap();
  }

  class Tdx {
    const orig: Td
    const changes: Td

    /**
     * Opens a store for the changes: a kilobyte at first, and extended as needed. tdx_init opens it
     * without a callback that allocates buffers.
     */
    constructor (orig: Td, callback: (nat, nat) -> Word, allocates: bool)
      requires Usable(orig)
      ensures this.orig == orig && fresh(changes) && changes.allocates == allocates
      ensures changes.extendable && changes.callback == callback && Room(changes) == 1024 - HEADER_SIZE
      ensures Ready() && DictOf(changes) == map[]
      ensures Shown() == DictOf(orig)
    {
      hide Usable, DictOf, View, WellTagged, SizesOf, Largest;
      var store := OpenChanges(callback, allocates);
      this.orig, this.changes := orig, store;
      new;
      NoChanges(DictOf(orig));
    }

    ghost predicate Ready()
      reads this, orig, changes
    {
      changes != orig && Usable(orig) && Usable(changes) && WellTagged(DictOf(changes))
    }

    /** The map a user of the transaction sees. */
    ghost function Shown(): Dict
      reads this, orig, changes
    {
      View(DictOf(changes), DictOf(orig))
    }

    method Put(key: seq<Byte>, value: seq<Byte>, flags: Flags) returns (r: Status)
      requires Ready() && !flags.duplKeys
      requires KEYHEAD_SIZE + |key| < WORD_LIMIT && |value| + 1 + CHUNKHEAD_SIZE < WORD_LIMIT
      modifies changes
      ensures r == Ok || r == Space || r == Dup || r == Struct || r == Invalid
      ensures r == Ok ==> Ready() && Shown() == old(Shown())[key := value]
      ensures Height(old(changes.tree)) < TD_MAXDEPTH ==> r == Ok || r == Space || r == Dup
      ensures r == Dup ==> flags.noOverwrite || old(changes.header).flags.noOverwrite
      ensures old(Room(changes)) >= |key| + |value| + 57 ==> r != Space
      ensures r == Space && changes.extendable ==> ShortGrant(changes, |key| + |value| + 41)
    {
      r := PutChange(changes, key, value, TDX_PUT, flags);
      ViewPut(old(DictOf(changes)), DictOf(orig), key, value);
    }

    /** Marks a key as deleted; the value handed in is stored with the mark and never shown. */
    method Del(key: seq<Byte>, value: seq<Byte>, flags: Flags) returns (r: Status)
      requires Ready() && !flags.duplKeys
      requires KEYHEAD_SIZE + |key| < WORD_LIMIT && |value| + 1 + CHUNKHEAD_SIZE < WORD_LIMIT
      modifies changes
      ensures r == Ok || r == Space || r == Dup || r == Struct || r == Invalid
      ensures r == Ok ==> Ready() && Shown() == old(Shown()) - {key}
      ensures Height(old(changes.tree)) < TD_MAXDEPTH ==> r == Ok || r == Space || r == Dup
      ensures r == Dup ==> flags.noOverwrite || old(changes.header).flags.noOverwrite
      ensures old(Room(changes)) >= |key| + |value| + 57 ==> r != Space
      ensures r == Space && changes.extendable ==> ShortGrant(changes, |key| + |value| + 41)
    {
      r := PutChange(changes, key, value, TDX_DEL, flags);
      ViewDel(old(DictOf(changes)), DictOf(orig), key, value);
    }
  
    /** Looks a key up in the changes, and in the original if they do not have it, into a buffer of n bytes. */
    method Get(key: seq<Byte>, n: nat, flags: Flags) returns (r: Status, value: seq<Byte>)
      requires Ready() && flags.exact && !flags.partial
      modifies orig`header, orig`maxdepth, changes`header, changes`maxdepth
      ensures Ready() && DictOf(changes) == old(DictOf(changes)) && DictOf(orig) == old(DictOf(orig))
      ensures orig.header == old(orig.header)
      ensures r == Ok || r == NotFound || r == Checksum || r == Struct || r == Invalid
      ensures (r == Ok || r == NotFound) && Readable(DictOf(changes), key, n) ==>
                (r == Ok <==> key in Shown()) && (r == Ok ==> value == Cut(Shown()[key], Fixed(n)))
      ensures Height(changes.tree) < TD_MAXDEPTH && Height(orig.tree) < TD_MAXDEPTH && !flags.checksum ==>
                (Readable(DictOf(changes), key, n) ==> r == Ok || r == NotFound)
      ensures key in DictOf(changes) && Height(changes.tree) < TD_MAXDEPTH && !flags.checksum ==>
                (Right(Shown(), key, r, value) <==> Readable(DictOf(changes), key, n))
    {
      hide Usable, View, Cut, Height, IsPut, IsDel, DictOf, WellTagged, Readable;
      r, value := Lookup(changes, key, n, flags);
      ghost var c, o := DictOf(changes), DictOf(orig);
      TagRead(c, o, key, n);
      if r == Ok {
        if |value| == 0 {
          return Struct, value;
        }
        var tag := value[|value| - 1];
        if tag == TDX_PUT {
          value := value[..|value| - 1];
        } else if tag == TDX_DEL {
          r := NotFound;
        } else {
          r := Struct;
        }
      } else if r == NotFound {
        r, value := Lookup(orig, key, n, flags);
      }
    }

    /**
     * Carries the changes over to the original, in order of their keys, up to the first that fails. The
     * ghost result counts those carried over.
     */
    method Commit() returns (r: Status, ghost done: nat)
      requires Ready()
      modifies orig, changes`header
      ensures Usable(changes) && ContentsOf(changes) == old(ContentsOf(changes))
      ensures done <= |ContentsOf(changes)|
      ensures r == Ok ==> Ready()
      ensures r == Ok ==> DictOf(orig) == Replayed(old(DictOf(orig)), ContentsOf(changes), done)
      ensures r == Ok && Height(changes.tree) < TD_MAXDEPTH ==>
                done == |ContentsOf(changes)| && DictOf(orig) == old(Shown()) &&
                  AllPresent(DictOf(changes), old(DictOf(orig)))
      ensures r == NotFound ==> !AllPresent(DictOf(changes), old(DictOf(orig)))
      ensures r == NotFound ==> Usable(orig) && DictOf(orig) == Replayed(old(DictOf(orig)), ContentsOf(changes), done)
      ensures Height(changes.tree) < TD_MAXDEPTH && ContentsOf(changes) == [] ==> r == Ok
      ensures r == Ok && Height(changes.tree) < TD_MAXDEPTH && !changes.allocates ==> ContentsOf(changes) == []
      ensures Height(changes.tree) < TD_MAXDEPTH && !changes.allocates && ContentsOf(changes) != [] ==>
                r == Struct && Usable(orig) && ContentsOf(orig) == old(ContentsOf(orig))
      ensures changes.allocates && |old(ContentsOf(orig))| + |ContentsOf(changes)| <= TD_MAXDEPTH ==>
                r == Ok || r == NotFound || r == Space || r == Dup || Height(changes.tree) >= TD_MAXDEPTH
      ensures r == Dup ==> old(orig.header).flags.noOverwrite
      ensures old(Room(orig)) >= CarryCost(ContentsOf(changes), |ContentsOf(changes)|) + CHUNKHEAD_SIZE ==> r != Space
    {
      hide Usable, View, Cut, Height, IsPut, IsDel, MapOf, WellTagged, Replayed, Applied, AllPresent, Tombs,
        ContentsOf, Valid, Strict, Placed, Room, CarryCost, Carried;
      done := 0;
      ghost var es, o := ContentsOf(changes), DictOf(orig);
      IsUsable(changes);
      ghost var n0, room0 := |ContentsOf(orig)|, Room(orig);
      Untouched(orig, o, es);
      var cursor := new Cursor(changes);
      r := cursor.Init();
      if r != Ok {
        return;
      }
      while true
        invariant Usable(changes) && Valid(changes) && ContentsOf(changes) == es && WellTagged(DictOf(changes))
        invariant fresh(cursor) && fresh(cursor.path) && cursor.td == changes && done <= |es|
        invariant cursor.Current() && cursor.AtEntry(done)
        invariant Carried(orig, o, es, done, n0, room0)
        invariant !changes.allocates ==> done == 0 && ContentsOf(orig) == old(ContentsOf(orig))
        invariant orig.header.flags == old(orig.header).flags
        decreases |es| - done
      {
        var last;
        last, r := CommitNext(orig, cursor, o, done, n0, room0);
        if last {
          break;
        }
        if r != Ok {
          return;
        }
        done := done + 1;
      }
      CarriedSoFar(orig, o, es, done, n0, room0);
      if done == |es| {
        AllCarried(changes, o);
      }
      return Ok, done;
    }
  }

  /** Every tombstone is for a key the original has. */
  ghost predicate AllPresent(c: Dict, o: Dict) {
    forall key | IsDel(c, key) :: key in o
  }

  ghost predicate Tombs(es: Contents.Entries, o: Dict, n: nat) {
    forall j | 0 <= j < n && j < |es| && es[j].value != [] && TagOf(es[j].value) == TDX_DEL :: es[j].key in o
  }

  lemma TaggedEntry(td: Td, j: nat)
    requires Usable(td) && WellTagged(DictOf(td)) && j < |ContentsOf(td)|
    ensures ContentsOf(td)[j].value != []
  {
    hide MapOf, Strict, ContentsOf;
    StrictRank(ContentsOf(td), j);
    var key := ContentsOf(td)[j].key;
    assert IsPut(DictOf(td), key) || IsDel(DictOf(td), key);
  }

  lemma CarryCostStep(es: Contents.Entries, n: nat)
    requires n < |es|
    ensures CarryCost(es, n + 1) == CarryCost(es, n) + |es[n].key| + |es[n].value| + 39 <= CarryCost(es, |es|)
    ensures CarryCost(es, 0) == 0
  {
    CarryCostGrows(es, n + 1, |es|);
  }

  lemma IsUsable(td: Td)
    requires Usable(td)
    ensures Valid(td) && Strict(ContentsOf(td))
  {
  }

  /** The first n changes have been carried over to a store that had n0 entries, and room for them if for all. */
  ghost predicate Carried(td: Td, o: Dict, es: Contents.Entries, n: nat, n0: nat, room0: nat)
    reads td
    requires n <= |es|
  {
    && Usable(td) && DictOf(td) == Replayed(o, es, n) && Tombs(es, o, n) && |ContentsOf(td)| <= n0 + n
    && (room0 >= CarryCost(es, |es|) + CHUNKHEAD_SIZE ==> Room(td) >= room0 - CarryCost(es, n))
  }

  lemma Untouched(td: Td, o: Dict, es: Contents.Entries)
    requires Usable(td) && o == DictOf(td)
    ensures Carried(td, o, es, 0, |ContentsOf(td)|, Room(td))
  {
    hide Valid, ContentsOf, MapOf, Strict, Room;
  }

  lemma CarriedSoFar(td: Td, o: Dict, es: Contents.Entries, n: nat, n0: nat, room0: nat)
    requires n <= |es| && Carried(td, o, es, n, n0, room0)
    ensures Usable(td) && DictOf(td) == Replayed(o, es, n) && Tombs(es, o, n)
  {
  }

  /** A buffer the library allocates gets everything, and one it cannot allocate gets nothing. */
  lemma FullOrEmpty(e: Entry, allocates: bool)
    ensures Cut(e.key, Unsized(allocates)) == (if allocates then e.key else [])
    ensures Cut(e.value, Unsized(allocates)) == (if allocates then e.value else [])
  {
  }

  lemma FitsAgain(td: Td, i: nat)
    requires Valid(td) && i < |ContentsOf(td)|
    ensures |ContentsOf(td)[i].key| + KEYHEAD_SIZE < WORD_LIMIT &&
      |ContentsOf(td)[i].value| + CHUNKHEAD_SIZE < WORD_LIMIT
  {
    hide IsSound, Consistent;
    Accounts.EntryFits(td.mem, td.heap, td.free, td.header, td.chains, td.tree, i);
  }

  /** Carries one change over. */
  method CarryOver(td: Td, key: seq<Byte>, val: seq<Byte>) returns (r: Status)
    requires Usable(td) && val != []
    requires KEYHEAD_SIZE + |key| < WORD_LIMIT && |val| + CHUNKHEAD_SIZE < WORD_LIMIT
    modifies td
    ensures r == Ok ==> Usable(td) && DictOf(td) == Applied(old(DictOf(td)), Entry(key, val))
    ensures r == Ok && TagOf(val) == TDX_DEL ==> key in old(DictOf(td))
    ensures Height(old(td.tree)) < TD_MAXDEPTH ==>
              if TagOf(val) == TDX_PUT then r == Ok || r == Space || r == Dup
              else r == Ok || (r == NotFound && TagOf(val) == TDX_DEL)
    ensures r == Dup ==> old(td.header).flags.noOverwrite
    ensures td.header.flags == old(td.header).flags || r != Ok
    ensures r == Ok ==> |ContentsOf(td)| <= |old(ContentsOf(td))| + 1
    ensures old(Room(td)) >= |key| + |val| + 55 ==> r != Space && Room(td) >= old(Room(td)) - |key| - |val| - 39
    ensures r == NotFound ==> key !in old(DictOf(td)) && TagOf(val) == TDX_DEL
    ensures r == NotFound ==> Usable(td) && DictOf(td) == old(DictOf(td))
  {
    hide IsSound, Used, Consistent, Records.Entries, Inorder, Height, Strict, MapOf, Puts.PutOutcome, Vectors.Concat,
      Vectors.Copyable, Found, Rank, Without, Purged, Runs.Step, SizesOf, Largest, ShortGrant, Settled, Puts.PutTree,
      Pulled, Tidied, DepthAfter, Weight;
    ghost var es := ContentsOf(td);
    r := Ok;
    if val[|val| - 1] == TDX_PUT {
      Runs.OneSegment(val[..|val| - 1]);
      ghost var leaked;
      ghost var node;
      r, leaked, node := Puts.Put(td, key, [val[..|val| - 1]], NO_FLAGS);
      if r == Ok {
        PutLength(old(td.tree), es, ContentsOf(td), key, val[..|val| - 1], td.header.flags.noOverwrite);
        PutIsUpdate(old(td.tree), es, ContentsOf(td), key, val[..|val| - 1], td.header.flags.noOverwrite);
      }
    } else if val[|val| - 1] == TDX_DEL {
      Runs.DeletedKey(es, key);
      FoundLength(es, key);
      var gone;
      ghost var y;
      r, gone, y := Operations.Del(td, key, Nothing, NO_FLAGS);
    }
  }

  lemma PutLength(t: Tree, es: Contents.Entries, es': Contents.Entries, key: seq<Byte>, value: seq<Byte>,
                  noOverwrite: bool)
    requires Puts.PutOutcome(t, es, es', key, value, false, noOverwrite)
    ensures |es'| <= |es| + 1
  {
  }

  lemma FoundLength(es: Contents.Entries, key: seq<Byte>)
    ensures Found(es, key, false) ==>
              Rank(es, key, false) < |es| && |Without(es, Rank(es, key, false))| == |es| - 1
  {
  }

  /** What carrying over the first n changes costs of the free space of the original. */
  ghost function CarryCost(es: Contents.Entries, n: nat): nat
    requires n <= |es|
  {
    if n == 0 then 0 else CarryCost(es, n - 1) + |es[n - 1].key| + |es[n - 1].value| + 39
  }

  lemma {:induction false} CarryCostGrows(es: Contents.Entries, m: nat, n: nat)
    requires m <= n <= |es|
    ensures CarryCost(es, m) <= CarryCost(es, n)
    decreases n
  {
    if m < n {
      CarryCostGrows(es, m, n - 1);
    }
  }

  /** Carries the n-th change over. */
  method CarryNext(td: Td, key: seq<Byte>, val: seq<Byte>, ghost o: Dict, ghost es: Contents.Entries, ghost n: nat,
                   ghost n0: nat, ghost room0: nat)
    returns (r: Status)
    requires n < |es| && Carried(td, o, es, n, n0, room0) && Strict(es) && es[n] == Entry(key, val) && val != []
    requires KEYHEAD_SIZE + |key| < WORD_LIMIT && |val| + CHUNKHEAD_SIZE < WORD_LIMIT
    modifies td
    ensures r == Ok ==> Carried(td, o, es, n + 1, n0, room0) && td.header.flags == old(td.header).flags
    ensures r == NotFound ==> !AllPresent(MapOf(es), o) && Usable(td) && DictOf(td) == Replayed(o, es, n)
    ensures r == Dup ==> old(td.header).flags.noOverwrite
    ensures n0 + |es| <= TD_MAXDEPTH ==> r == Ok || r == NotFound || r == Space || r == Dup
    ensures room0 >= CarryCost(es, |es|) + CHUNKHEAD_SIZE ==> r != Space
  {
    hide Usable, Height, MapOf, Replayed, Applied, AllPresent, Tombs, ContentsOf, Strict, Room, CarryCost;
    CarryCostStep(es, n);
    ContentsHigh(td);
    r := CarryOver(td, key, val);
    if r == NotFound {
      TombMissing(es, o, n);
    } else if r == Ok {
      CarriedOver(es, o, n);
    }
  }

  /** One round of a commit: reads the next change, unless that was the last one, and carries it over. */
  method CommitNext(orig: Td, cursor: Cursor, ghost o: Dict, ghost n: nat, ghost n0: nat, ghost room0: nat)
    returns (last: bool, r: Status)
    requires cursor.td != orig && Usable(cursor.td) && Valid(cursor.td) && WellTagged(DictOf(cursor.td))
    requires n <= |ContentsOf(cursor.td)| && cursor.Current() && cursor.AtEntry(n)
    requires Carried(orig, o, ContentsOf(cursor.td), n, n0, room0)
    modifies orig, cursor.td`header, cursor.path
    ensures Usable(cursor.td) && Valid(cursor.td) && ContentsOf(cursor.td) == old(ContentsOf(cursor.td))
    ensures cursor.Current()
    ensures var es := ContentsOf(cursor.td);
            if last then
              && Carried(orig, o, es, n, n0, room0) && ContentsOf(orig) == old(ContentsOf(orig))
              && (Height(cursor.td.tree) < TD_MAXDEPTH ==> n == |es|)
            else if !cursor.td.allocates then
              n < |es| && r == Struct && Usable(orig) && ContentsOf(orig) == old(ContentsOf(orig))
            else
              && n < |es|
              && (r == Ok ==> Carried(orig, o, es, n + 1, n0, room0) && cursor.AtEntry(n + 1))
              && (r == Ok ==> orig.header.flags == old(orig.header).flags)
              && (r == NotFound ==> !AllPresent(MapOf(es), o) && Usable(orig) && DictOf(orig) == Replayed(o, es, n))
              && (r == Dup ==> old(orig.header).flags.noOverwrite)
              && (n0 + |es| <= TD_MAXDEPTH ==> r == Ok || r == NotFound || r == Space || r == Dup)
              && (room0 >= CarryCost(es, |es|) + CHUNKHEAD_SIZE ==> r != Space)
    ensures last ==> orig.header == old(orig.header)
  {
    hide Usable, Cut, Height, MapOf, WellTagged, Replayed, AllPresent, ContentsOf, Valid, Strict, Placed, Room,
      CarryCost, Carried;
    ghost var es := ContentsOf(cursor.td);
    CarriedSoFar(orig, o, es, n, n0, room0);
    IsUsable(cursor.td);
    var cap := Unsized(cursor.td.allocates);
    var key, val;
    r, key, val := cursor.Next(cap, Into(cap), NO_FLAGS.(allocTdt := true), n);
    last := r != Ok;
    if last {
      return;
    }
    FullOrEmpty(es[n], cursor.td.allocates);
    TaggedEntry(cursor.td, n);
    if |val| == 0 {
      r := Struct;
      return;
    }
    FitsAgain(cursor.td, n);
    r := CarryNext(orig, key, val, o, es, n, n0, room0);
  }

  lemma CarriedOver(es: Contents.Entries, o: Dict, n: nat)
    requires Strict(es) && n < |es| && Tombs(es, o, n)
    requires es[n].value != [] && TagOf(es[n].value) == TDX_DEL ==> es[n].key in Replayed(o, es, n)
    ensures Replayed(o, es, n + 1) == Applied(Replayed(o, es, n), es[n]) && Tombs(es, o, n + 1)
  {
    forall j | 0 <= j < n ensures es[j].key != es[n].key {
      OneKeyEach(es, j, n);
    }
    ReplayedElsewhere(o, es, n, es[n].key);
  }

  lemma TombMissing(es: Contents.Entries, o: Dict, n: nat)
    requires Strict(es) && n < |es| && es[n].value != [] && TagOf(es[n].value) == TDX_DEL &&
      es[n].key !in Replayed(o, es, n)
    ensures !AllPresent(MapOf(es), o)
  {
    hide MapOf, Strict;
    forall j | 0 <= j < n ensures es[j].key != es[n].key {
      OneKeyEach(es, j, n);
    }
    ReplayedElsewhere(o, es, n, es[n].key);
    StrictRank(es, n);
    assert IsDel(MapOf(es), es[n].key);
  }

  lemma AllCarried(changes: Td, o: Dict)
    requires Usable(changes) && Tombs(ContentsOf(changes), o, |ContentsOf(changes)|)
    ensures Replayed(o, ContentsOf(changes), |ContentsOf(changes)|) == View(DictOf(changes), o)
    ensures AllPresent(DictOf(changes), o)
  {
    var es := ContentsOf(changes);
    hide Valid, ContentsOf, MapOf, Strict;
    ReplayedAll(o, es);
    forall key | IsDel(MapOf(es), key) ensures key in o {
      var j := KeyIndex(es, key);
      StrictRank(es, j);
    }
  }

  /** The answer to a lookup is what the map holds. */
  ghost predicate Right(d: Dict, key: seq<Byte>, r: Status, value: seq<Byte>) {
    if key in d then r == Ok && value == d[key] else r == NotFound
  }

  /**
   * A change read into a buffer of n bytes can be told: its tag fits, or it is a tombstone and the last
   * byte that fits happens to look like one.
   */
  ghost predicate Readable(c: Dict, key: seq<Byte>, n: nat) {
    key in c ==> |c[key]| <= n || (IsDel(c, key) && 0 < n && c[key][n - 1] == TDX_DEL)
  }

  /** What a reader makes of a change by the last byte that fits into the buffer. */
  lemma TagRead(c: Dict, o: Dict, key: seq<Byte>, n: nat)
    requires WellTagged(c)
    ensures key !in c ==> Readable(c, key, n) && SameAt(View(c, o), o, key)
    ensures key in c ==>
              var value, v, readable := Cut(c[key], Fixed(n)), View(c, o), Readable(c, key, n);
              if value == [] then !readable
              else if value[|value| - 1] == TDX_PUT then
                && (readable <==> Right(v, key, Ok, value[..|value| - 1]))
                && (readable ==> Cut(v[key], Fixed(n)) == v[key])
              else if value[|value| - 1] == TDX_DEL then readable <==> key !in v
              else !readable
  {
    if key in c {
      assert IsPut(c, key) || IsDel(c, key);
    }
  }

  /** A deleted key can come back: of a tombstone of two bytes, a buffer of one byte shows what looks like a put. */
  lemma TombstoneMisread(key: seq<Byte>)
    ensures var c: Dict := map[key := [TDX_PUT, TDX_DEL]];
            && WellTagged(c) && key !in View(c, map[]) && !Readable(c, key, 1)
            && Cut(c[key], Fixed(1)) == [TDX_PUT]
  {
    var c: Dict := map[key := [TDX_PUT, TDX_DEL]];
    assert TagOf(c[key]) == TDX_DEL;
  }

  /** An exact td_get, as the map sees it. */
  method Lookup(td: Td, key: seq<Byte>, n: nat, flags: Flags) returns (r: Status, value: seq<Byte>)
    requires Usable(td) && flags.exact && !flags.partial
    modifies td`header, td`maxdepth
    ensures Usable(td) && DictOf(td) == old(DictOf(td)) && td.header == old(td.header)
    ensures r == Ok || r == NotFound || r == Checksum || r == Struct || r == Invalid
    ensures r == Ok ==> key in DictOf(td) && value == Cut(DictOf(td)[key], Fixed(n))
    ensures r == NotFound ==> key !in DictOf(td)
    ensures Height(td.tree) < TD_MAXDEPTH && !flags.checksum ==> r == Ok || r == NotFound
  {
    hide IsSound, Used, Consistent, Records.Entries, Inorder, Height, Strict, MapOf, Answers, Found, Cut;
    var found;
    ghost var i;
    r, found, value, i := Operations.Get(td, key, Into(Fixed(n)), flags);
    Runs.ExactAnswer(td.tree, ContentsOf(td), key);
    AnswerInRange(td.tree, ContentsOf(td), key);
  }

  lemma AnswerInRange(t: Tree, es: Contents.Entries, key: seq<Byte>)
    ensures forall i: nat | Answers(t, es, key, false, true, i) :: i < |es|
  {
  }

  lemma TwoSegments(value: seq<Byte>, tag: Byte)
    ensures Vectors.Concat([value, [tag]]) == value + [tag] && Vectors.Copyable([value, [tag]])
  {
    assert [value, [tag]][..1] == [value];
    Runs.OneSegment(value);
  }

  /** Puts a value with its tag behind it, as a vector of two segments. */
  method PutChange(td: Td, key: seq<Byte>, value: seq<Byte>, tag: Byte, flags: Flags) returns (r: Status)
    requires Usable(td) && !flags.duplKeys
    requires KEYHEAD_SIZE + |key| < WORD_LIMIT && |value| + 1 + CHUNKHEAD_SIZE < WORD_LIMIT
    modifies td
    ensures r == Ok || r == Space || r == Dup || r == Struct || r == Invalid
    ensures r == Ok ==> Usable(td) && DictOf(td) == old(DictOf(td))[key := value + [tag]]
    ensures Height(old(td.tree)) < TD_MAXDEPTH ==> r == Ok || r == Space || r == Dup
    ensures r == Dup ==> flags.noOverwrite || old(td.header).flags.noOverwrite
    ensures old(Room(td)) >= |key| + |value| + 57 ==> r != Space
    ensures r == Space && td.extendable ==> ShortGrant(td, |key| + |value| + 41)
  {
    hide IsSound, Used, Consistent, Records.Entries, Inorder, Height, Strict, MapOf, Puts.PutOutcome, Vectors.Concat,
      Vectors.Copyable, Found, Rank, SizesOf, Largest, ShortGrant, Settled, Puts.PutTree, DepthAfter, Weight;
    TwoSegments(value, tag);
    ghost var leaked;
    ghost var node;
    r, leaked, node := Puts.Put(td, key, [value, [tag]], flags);
    if r == Ok {
      PutIsUpdate(old(td.tree), old(ContentsOf(td)), ContentsOf(td), key, value + [tag],
        flags.noOverwrite || td.header.flags.noOverwrite);
    }
  }

  /** Once a transaction has been committed, the original answers what the transaction answered before. */
  method AskCommitAsk(tdx: Tdx, key: seq<Byte>, n: nat, flags: Flags)
    returns (before: Status, v0: seq<Byte>, r: Status, after: Status, v1: seq<Byte>)
    requires tdx.Ready() && flags.exact && !flags.partial && !flags.checksum
    requires Height(tdx.changes.tree) < TD_MAXDEPTH && Height(tdx.orig.tree) < TD_MAXDEPTH
    requires Readable(DictOf(tdx.changes), key, n)
    modifies tdx.orig, tdx.changes
    ensures r == Ok && (after == Ok || after == NotFound) ==> after == before && (before == Ok ==> v1 == v0)
    ensures r == Ok && Height(tdx.orig.tree) < TD_MAXDEPTH ==> after == Ok || after == NotFound
  {
    hide Usable, View, Cut, Height, DictOf, Readable, WellTagged, AllPresent;
    before, v0 := tdx.Get(key, n, flags);
    ghost var done;
    r, done := tdx.Commit();
    after, v1 := r, [];
    if r == Ok {
      after, v1 := Lookup(tdx.orig, key, n, flags);
    }
  }
}
