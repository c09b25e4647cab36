/** Cursors: tdc_init, tdc_get, tdc_nxt and tdc_mov on a store that does not change meanwhile. */
module Cursors {
  import opened Bytes
  import opened Blocks
  import opened Store
  import opened Values
  import opened Trees
  import opened Shapes
  import opened Paths
  import opened Walks
  import opened Search
  import opened Chains
  import opened Records
  import opened Contents
  import opened Database
  import opened Deletes
  import opened Operations
  import Checksums

  /** A cursor's path leads to the i-th node in order, or is empty when it is past the last one. */
  ghost predicate Placed(m: Heap, t: Tree, s: Stack, i: nat) {
    if s == [] then i == |Inorder(t)| else Resting(m, t, s) && Pos(t, s) == i
  }

  class Cursor {
    const td: Td
    const path: Path
    var scn: Word    // of the store when the cursor was made

    constructor (td: Td)
      ensures this.td == td && fresh(path) && scn == 0
    {
      this.td, scn := td, 0;
      path := new Path(0);
    }

    /** The cursor was made after the last change of the store that counts as one. */
    ghost predicate Current()
      reads this, td
    {
      scn == td.stored.scn
    }

    /** The cursor is at the i-th entry, or, with i the number of entries, past the last one. */
    ghost predicate AtEntry(i: nat)
      reads this, td, path
    {
      Placed(Used(td.heap), td.tree, path.stack, i)
    }

    /** Starts the cursor at the smallest key. */
    method Init() returns (r: Status)
      requires Valid(td)
      modifies this, path, td`header
      ensures Valid(td) && td.header == old(td.header) && ContentsOf(td) == old(ContentsOf(td))
      ensures r == Ok || r == Struct
      ensures Height(td.tree) < TD_MAXDEPTH ==> r == Ok
      ensures Current() && (r == Ok ==> AtEntry(0))
    {
      hide IsSound, Used, Consistent, Records.Entries, Inorder, Shape, OnPath, Pos, Height;
      path.stack := [];
      td.ReadHeader();
      scn := td.header.scn;
      ghost var m, t := Used(td.heap), td.tree;
      ConsistentTree(m, td.chains, t, td.header);
      Rootless(m, td.chains, td.header.top, t);
      NoNodes();
      r := Ok;
      if td.header.top != 0 {
        path.stack := [Fresh(td.header.top)];
        AtTheTop(m, t, path.stack);
        r := IterateToMin(td, path, t, td.header.top);
      }
    }

    /** Reads the entry at the cursor. */
    method GetLocked(keyCap: Capacity, want: Want, flags: Flags, ghost i: nat)
      returns (r: Status, key: seq<Byte>, value: seq<Byte>)
      requires Valid(td) && (Current() ==> AtEntry(i))
      modifies td`header
      ensures Valid(td) && td.header == old(td.header) && ContentsOf(td) == old(ContentsOf(td))
      ensures r == Ok || r == Invalid || r == NotFound || r == Checksum
      ensures r == Invalid <==> !Current()
      ensures r == NotFound <==> Current() && i == |ContentsOf(td)|
      ensures r == Checksum ==> flags.checksum && !td.header.flags.checksum
      ensures r == Ok ==> i < |ContentsOf(td)| && key == Cut(ContentsOf(td)[i].key, keyCap)
      ensures r == Ok && want.Into? ==> value == Cut(ContentsOf(td)[i].value, want.cap)
      ensures r == Ok && flags.checksum && !td.header.flags.checksum ==>
        KeyClean(td, i, keyCap) && (want.Into? ==> Clean(td, i, want.cap))
    {
      hide IsSound, Used, Consistent, Records.Entries, Inorder, Shape, DataOf, Chain, OnPath, Pos, Height, AllSummed,
        Cut, Sorted, Summed, KeyAt, KeyCleanAt, ReadsClean, Checksums.Fnv;
      ghost var m, t := Used(td.heap), td.tree;
      key, value := [], [];
      td.ReadHeader();
      if scn != td.header.scn {
        return Invalid, key, value;
      }
      if |path.stack| == 0 {
        return NotFound, key, value;
      }
      var e := Top(path.stack);
      RestingTop(m, td.chains, t, path.stack);
      PosAt(t, path.stack);
      ConsistentTree(m, td.chains, t, td.header);
      if e.cmp != 0 {
        assert false;   // what would be answered with TDERR_STRUCT
      }
      NodeAtTop(m, td.chains, t, td.header, path.stack);
      KeySized(td.mem, td.heap, td.free, td.header, e.ptr, e.head);
      KeySeen(m, Inorder(t), i, e.ptr, e.head, keyCap);
      r, key := FetchKey(td, e.ptr, e.head, keyCap, flags);
      if r == Ok && want.Into? {
        r, value := ReadValue(td, e.head.value, want.cap, flags.Or(td.header.flags), td.chains[e.head.value]);
      }
    }

    /** Reads the entry at the cursor and steps to the next one. */
    method Next(keyCap: Capacity, want: Want, flags: Flags, ghost i: nat)
      returns (r: Status, key: seq<Byte>, value: seq<Byte>)
      requires Valid(td) && (Current() ==> AtEntry(i))
      modifies td`header, path
      ensures Valid(td) && td.header == old(td.header) && ContentsOf(td) == old(ContentsOf(td))
      ensures !Current() <==> r == Invalid && !old(Current())
      ensures r == NotFound <==> old(Current()) && i == |ContentsOf(td)|
      ensures r == NotFound ==> AtEntry(i)
      ensures r == Checksum ==> flags.checksum && !td.header.flags.checksum
      ensures r == Ok ==> i < |ContentsOf(td)| && key == Cut(ContentsOf(td)[i].key, keyCap) && AtEntry(i + 1)
      ensures r == Ok && want.Into? ==> value == Cut(ContentsOf(td)[i].value, want.cap)
      ensures r == Ok && flags.checksum && !td.header.flags.checksum ==>
        KeyClean(td, i, keyCap) && (want.Into? ==> Clean(td, i, want.cap))
      ensures Height(td.tree) < TD_MAXDEPTH && old(Current()) ==> r == Ok || r == NotFound || r == Checksum
    {
      hide IsSound, Used, Consistent, Records.Entries, Inorder, Shape, OnPath, Pos, Height, Cut, KeyCleanAt, CleanAt;
      ghost var m, t := Used(td.heap), td.tree;
      r, key, value := GetLocked(keyCap, want, flags, i);
      if r != Ok {
        return;
      }
      ConsistentTree(m, td.chains, t, td.header);
      r := PathNext(td, path, t, td.header.top);
      if r == NotFound {
        path.stack := [];
        r := Ok;
      }
    }

    /** Seeks a key: the cursor ends at the entry a lookup with the same flags would hand out. */
    method Move(key: seq<Byte>, callFlags: Flags) returns (r: Status, ghost n: nat)
      requires Valid(td)
      modifies td`header, td`maxdepth, path
      ensures Valid(td) && td.header == old(td.header) && ContentsOf(td) == old(ContentsOf(td))
      ensures r == Ok || r == NotFound || r == Invalid || r == Struct
      ensures !Current() && ContentsOf(td) != [] ==> r == Invalid
      ensures var partial, exact := callFlags.partial || td.header.flags.partial,
                                    callFlags.exact || td.header.flags.exact;
              && (r == Ok ==> Answers(td.tree, ContentsOf(td), key, partial, exact, n) && AtEntry(n))
              && (r == NotFound ==> ContentsOf(td) == [] || (exact && !Found(ContentsOf(td), key, partial)))
              && td.maxdepth ==
                   if r == Struct || r == Invalid then old(td.maxdepth)
                   else DepthAfter(old(td.maxdepth), td.tree, ContentsOf(td), key, partial)
      ensures r == NotFound && ContentsOf(td) != [] ==> AtEntry(|ContentsOf(td)|)
      ensures Height(td.tree) < TD_MAXDEPTH && Current() ==> r == Ok || r == NotFound
    {
      hide IsSound, Used, Consistent, Records.Entries, Inorder, Shape, OnPath, Pos, Height, Found, Rank, Answers,
        DepthAfter, EndOf, Weight;
      var flags := callFlags.Or(td.header.flags);
      ghost var m, t := Used(td.heap), td.tree;
      n := 0;
      td.ReadHeader();
      ConsistentTree(m, td.chains, t, td.header);
      Rootless(m, td.chains, td.header.top, t);
      if td.header.top == 0 {
        NoSearch(m, td.chains, t, key, flags.partial, td.maxdepth);
        return NotFound, n;
      }
      path.stack := [Fresh(td.header.top)];
      if scn != td.header.scn {
        return Invalid, n;
      }
      r, n := Seek(td, path, key, flags.partial);
      if r != Ok {
        return;
      }
      EndAnswers(t, ContentsOf(td), key, flags.partial, flags.exact);
      LandedRests(m, t, path.stack);
      if Top(path.stack).cmp == 0 {
        LandedHere(path.stack);
      } else if flags.exact {
        path.stack := [];
        r := NotFound;
      } else {
        path.stack := Marked(path.stack, 0);
      }
    }
  }

  lemma NoNodes()
    ensures |Inorder(Leaf)| == 0
  {
  }

  lemma LandedRests(m: Heap, t: Tree, s: Stack)
    requires |s| > 0 && OnPath(m, t, s)
    ensures Resting(m, t, Marked(s, 0)) && Pos(t, Marked(s, 0)) == Pos(t, s)
  {
    MarkedSame(m, t, s, 0);
  }

  lemma LandedHere(s: Stack)
    requires |s| > 0 && Top(s).cmp == 0
    ensures Marked(s, 0) == s
  {
  }

  /** The entry at the end of a path. */
  lemma NodeAtTop(m: Heap, chains: map<nat, seq<nat>>, t: Tree, hd: Header, s: Stack)
    requires Consistent(m, chains, t, hd) && Resting(m, t, s)
    ensures |s| > 0 && HeadAt(m, Top(s).ptr, Top(s).head)
    ensures var u := Top(s).head.value;
            && u in chains && Chain(m, u, chains[u])
            && (hd.flags.checksum ==> AllSummed(m, chains[u]))
            && Pos(t, s) < |Inorder(t)|
            && Records.Entries(m, chains, Inorder(t))[Pos(t, s)] == Entry(KeyAt(m, Top(s).ptr), DataOf(m, chains[u]))
  {
    PosAt(t, s);
    NodeValue(m, chains, t, hd, Pos(t, s), Top(s).ptr);
  }

  /** Reads the whole store with a cursor: every entry comes out exactly once and in order. */
  method Enumerate(td: Td) returns (r: Status, es: seq<Entry>)
    requires Valid(td)
    modifies td`header
    ensures Valid(td) && ContentsOf(td) == old(ContentsOf(td))
    ensures r == Ok ==> es == ContentsOf(td)
    ensures es <= ContentsOf(td)
    ensures Height(td.tree) < TD_MAXDEPTH ==> r == Ok
  {
    hide IsSound, Used, Consistent, Records.Entries, Inorder, Shape, Height, Cut, Placed;
    es := [];
    var cursor := new Cursor(td);
    r := cursor.Init();
    if r != Ok {
      return;
    }
    while true
      invariant Valid(td) && ContentsOf(td) == old(ContentsOf(td)) && td.header == old(td.header)
      invariant |es| <= |ContentsOf(td)| && es == ContentsOf(td)[..|es|]
      invariant cursor.Current() && cursor.AtEntry(|es|)
      decreases |ContentsOf(td)| - |es|
    {
      var key, value;
      r, key, value := cursor.Next(Grow, Into(Grow), NO_FLAGS, |es|);
      if r == NotFound {
        return Ok, es;
      } else if r != Ok {
        return;
      }
      OneMore(ContentsOf(td), es);
      es := es + [Entry(key, value)];
    }
  }

  lemma OneMore(all: Contents.Entries, es: Contents.Entries)
    requires |es| < |all| && es == all[..|es|]
    ensures all[..|es| + 1] == es + [Entry(Cut(all[|es|].key, Grow), Cut(all[|es|].value, Grow))]
  {
  }
}
