/** Values as chains of chunks: what a chain says, and what all chains together own. */
module Chains {
  import opened Bytes
  import opened Blocks
  import opened FreeLists
  import opened Checksums

  /** From ptr, the stored links run through exactly the chunks of chain. */
  ghost predicate Chain(m: Heap, ptr: nat, chain: seq<nat>)
    decreases |chain|
  {
    if chain == [] then ptr == 0 else
      && ptr == chain[0] != 0
      && ptr in m && m[ptr].Chunk?
      && ptr !in chain[1..]
      && Chain(m, m[ptr].chead.next, chain[1..])
  }

  ghost function DataAt(m: Heap, o: nat): seq<Byte> {
    if o in m && m[o].Chunk? then m[o].data else []
  }

  /** The bytes of a value, chunk after chunk. */
  ghost function DataOf(m: Heap, chain: seq<nat>): seq<Byte> {
    if chain == [] then [] else DataAt(m, chain[0]) + DataOf(m, chain[1..])
  }

  /** Every stored checksum is that of the bytes it is stored with. */
  ghost predicate SummedAt(b: Block) {
    (b.Chunk? ==> b.chead.checksum == Fnv(b.data)) && (b.Key? ==> b.khead.checksum == Fnv(b.key))
  }

  ghost predicate Summed(m: Heap) {
    forall o | o in m :: SummedAt(m[o])
  }

  /** What is new passes its checksum, and what passed it still does. */
  ghost predicate SumsKept(m: Heap, m': Heap) {
    forall o | o in m' && (o in m ==> SummedAt(m[o])) :: SummedAt(m'[o])
  }

  lemma SumsTwice(m: Heap, m1: Heap, m2: Heap)
    requires SumsKept(m, m1) && SumsKept(m1, m2)
    ensures SumsKept(m, m2)
  {
    hide SummedAt;
  }

  /** No value is shared between keys. */
  ghost predicate Single(m: Heap) {
    forall o | o in m && m[o].Chunk? :: m[o].chead.refcount == 1
  }

  lemma {:induction false} ChainFrame(m: Heap, m': Heap, ptr: nat, chain: seq<nat>)
    requires Chain(m, ptr, chain)
    requires forall o | o in chain && o in m :: o in m' && m'[o] == m[o]
    ensures Chain(m', ptr, chain) && DataOf(m', chain) == DataOf(m, chain)
    decreases |chain|
  {
    if chain != [] {
      ChainFrame(m, m', m[ptr].chead.next, chain[1..]);
    }
  }

  lemma {:induction false} ChainMembers(m: Heap, ptr: nat, chain: seq<nat>)
    requires Chain(m, ptr, chain)
    ensures Distinct(chain)
    ensures forall o | o in chain :: o in m && m[o].Chunk? && o != 0
    decreases |chain|
  {
    if chain != [] {
      ChainMembers(m, m[ptr].chead.next, chain[1..]);
      assert forall i | 0 < i < |chain| :: chain[i] == chain[1..][i - 1] && chain[i] in chain[1..];
    }
  }

  lemma ChainHead(m: Heap, ptr: nat, chain: seq<nat>)
    requires Chain(m, ptr, chain) && chain != []
    ensures ptr in chain && ptr == chain[0] && ptr != 0 && ptr in m && m[ptr].Chunk?
  {
  }

  // ------------------------------------------------------------ all chains of a store

  ghost predicate Owned(chains: map<nat, seq<nat>>, o: nat) {
    exists p :: p in chains && o in chains[p]
  }

  /** The chains are chains, share no chunk, and leave none out. */
  ghost predicate Chained(m: Heap, chains: map<nat, seq<nat>>) {
    && (forall p | p in chains :: chains[p] != [] && Chain(m, p, chains[p]))
    && (forall p, q, o | p in chains && q in chains && o in chains[p] && o in chains[q] :: p == q)
    && (forall o | o in m && m[o].Chunk? :: Owned(chains, o))
  }

  ghost function ChunksOf(m: Heap): set<nat> {
    set o | o in m && m[o].Chunk?
  }

  /** A store with the chunks of a new chain in it, and nothing else changed. */
  ghost predicate Added(m: Heap, m': Heap, chain: seq<nat>) {
    && (forall o | o in m :: o in m' && m'[o] == m[o] && o !in chain)
    && (forall o | o in m' :: o in m || o in chain)
  }

  lemma ChainedAdd(m: Heap, m': Heap, chains: map<nat, seq<nat>>, p: nat, chain: seq<nat>)
    requires Chained(m, chains) && Added(m, m', chain)
    requires chain != [] && Chain(m', p, chain)
    ensures p !in chains && Chained(m', chains[p := chain])
    ensures forall q | q in chains :: DataOf(m', chains[q]) == DataOf(m, chains[q])
  {
    hide Chain;
    var chains' := chains[p := chain];
    forall q | q in chains
      ensures q != p && chains[q] != [] && Chain(m', q, chains[q]) && DataOf(m', chains[q]) == DataOf(m, chains[q])
      ensures forall o | o in chains[q] :: o !in chain
    {
      ChainMembers(m, q, chains[q]);
      ChainFrame(m, m', q, chains[q]);
      ChainHead(m, q, chains[q]);
      ChainHead(m', p, chain);
    }
    forall o | o in m' && m'[o].Chunk? ensures Owned(chains', o) {
      if o in m {
        var q :| q in chains && o in chains[q];
        assert q in chains' && o in chains'[q];
      } else {
        assert p in chains' && o in chains'[p];
      }
    }
  }

  /** A store without the chunks of one of its chains. */
  ghost predicate Removed(m: Heap, m': Heap, chain: seq<nat>) {
    && (forall o | o in m && o !in chain :: o in m' && m'[o] == m[o])
    && (forall o | o in m' :: o in m && o !in chain)
  }

  lemma ChainedRemove(m: Heap, m': Heap, chains: map<nat, seq<nat>>, p: nat)
    requires Chained(m, chains) && p in chains && Removed(m, m', chains[p])
    ensures Chained(m', chains - {p})
    ensures forall q | q in chains && q != p :: DataOf(m', chains[q]) == DataOf(m, chains[q])
  {
    var chains' := chains - {p};
    forall q | q in chains'
      ensures chains[q] != [] && Chain(m', q, chains[q]) && DataOf(m', chains[q]) == DataOf(m, chains[q])
    {
      ChainMembers(m, q, chains[q]);
      ChainFrame(m, m', q, chains[q]);
    }
    forall o | o in m' && m'[o].Chunk? ensures Owned(chains', o) {
      var q :| q in chains && o in chains[q];
      assert q in chains' && o in chains'[q];
    }
  }

  /** Blocks other than chunks can come, go and change without the chains noticing. */
  lemma ChainedFrame(m: Heap, m': Heap, chains: map<nat, seq<nat>>)
    requires Chained(m, chains)
    requires forall o | o in m && m[o].Chunk? :: o in m' && m'[o] == m[o]
    requires forall o | o in m' && m'[o].Chunk? :: o in m && m[o] == m'[o]
    ensures Chained(m', chains)
    ensures forall q | q in chains :: DataOf(m', chains[q]) == DataOf(m, chains[q])
    ensures ChunksOf(m') == ChunksOf(m)
  {
    forall q | q in chains
      ensures chains[q] != [] && Chain(m', q, chains[q]) && DataOf(m', chains[q]) == DataOf(m, chains[q])
    {
      ChainMembers(m, q, chains[q]);
      ChainFrame(m, m', q, chains[q]);
    }
  }

  /** A chunk that links to the front of a chain makes a longer one, in front of whose bytes its own stand. */
  lemma ChainPush(m0: Heap, m: Heap, next: Word, chain: seq<nat>, o: nat, b: Block)
    requires Added(m0, m, chain) && Chain(m, next, chain)
    requires o !in m && o != 0 && b.Chunk? && b.chead.next == next
    ensures Added(m0, m[o := b], [o] + chain)
    ensures Chain(m[o := b], o, [o] + chain)
    ensures DataOf(m[o := b], [o] + chain) == b.data + DataOf(m, chain)
  {
    ChainMembers(m, next, chain);
    ChainFrame(m, m[o := b], next, chain);
    assert ([o] + chain)[1..] == chain;
  }

  /** Without its first chunk, the rest of a chain is a chain. */
  lemma ChainPop(m: Heap, m': Heap, ptr: nat, chain: seq<nat>)
    requires Chain(m, ptr, chain) && chain != []
    requires Removed(m, m', [ptr])
    ensures Chain(m', m[ptr].chead.next, chain[1..])
  {
    ChainFrame(m, m', m[ptr].chead.next, chain[1..]);
  }
}
